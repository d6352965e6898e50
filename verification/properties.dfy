/**
 Properties of one movement step: which branch of the resolution fires, the
 value each branch produces, the bounds on the slide, and the threshold
 guard of Move.
 */
module ControllerProperties {
  import opened Geometry
  import opened Physics
  import opened Controller

  // ---------------------------------------------------------------------------
  // Free motion and hit selection
  // ---------------------------------------------------------------------------

  /** The length of a motion in polar form is its distance. */
  lemma PolarFormLength(motion: Vec2, direction: Vec2, distance: real)
    requires IsPolarForm(motion, direction, distance)
    ensures SqrMagnitude(motion) == distance * distance
  {
    DotOfScale(direction, distance, direction);
    assert SqrMagnitude(motion) == distance * distance * SqrMagnitude(direction);
  }

  /** With an empty cast the agent travels the whole motion, and the overlap
      test is never consulted: any two overlap answers give the same result. */
  lemma NoHitMovesFreely(agent: Agent, position: Vec2, motion: Vec2, direction: Vec2, distance: real,
                         cast: CastResult, overlap1: OverlapQuery, overlap2: OverlapQuery)
    requires IsPolarForm(motion, direction, distance)
    requires cast.count == 0
    ensures GetNewPosition(agent, position, motion, direction, distance, cast, overlap1) == Add(position, motion)
    ensures GetNewPosition(agent, position, motion, direction, distance, cast, overlap1)
         == GetNewPosition(agent, position, motion, direction, distance, cast, overlap2)
    ensures SqrMagnitude(Sub(GetNewPosition(agent, position, motion, direction, distance, cast, overlap1), position))
         == distance * distance
  {
    assert Sub(Add(position, motion), position) == motion;
    PolarFormLength(motion, direction, distance);
  }

  /** The hit that is resolved is never on the agent's own collider, and
      every entry before it is. */
  lemma SelectedHitIsFirstForeign(agent: Agent, position: Vec2, motion: Vec2, direction: Vec2, distance: real,
                                  cast: CastResult, overlap: OverlapQuery)
    requires IsPolarForm(motion, direction, distance)
    requires cast.count != 0 && HasForeignHit(cast, agent.own)
    ensures exists i :: 0 <= i < |cast.buffer|
              && cast.buffer[i].collider != agent.own
              && (forall j :: 0 <= j < i ==> cast.buffer[j].collider == agent.own)
              && GetNewPosition(agent, position, motion, direction, distance, cast, overlap)
                 == GetValidPositionFromCollision(position, direction, distance, cast.buffer[i], overlap)
  {
    var i := FirstForeign(cast.buffer, agent.own).value;
    assert cast.buffer[i].collider != agent.own;
  }

  /** Once the cast reports any hit, the selection scans the whole buffer:
      the count itself does not matter. */
  lemma SelectionIgnoresCount(agent: Agent, position: Vec2, motion: Vec2, direction: Vec2, distance: real,
                              cast1: CastResult, cast2: CastResult, overlap: OverlapQuery)
    requires IsPolarForm(motion, direction, distance)
    requires cast1.buffer == cast2.buffer && cast1.count != 0 && cast2.count != 0
    requires HasForeignHit(cast1, agent.own)
    ensures GetNewPosition(agent, position, motion, direction, distance, cast1, overlap)
         == GetNewPosition(agent, position, motion, direction, distance, cast2, overlap)
  {
  }

  /** When the one hit this cast reported is the agent's own collider, the
      entry left in the second slot by an earlier cast is the one resolved. */
  lemma StaleSlotIsResolved(agent: Agent, position: Vec2, motion: Vec2, direction: Vec2, distance: real,
                            cast: CastResult, overlap: OverlapQuery)
    requires IsPolarForm(motion, direction, distance)
    requires WellFormedCast(cast) && cast.count == 1
    requires cast.buffer[0].collider == agent.own && cast.buffer[1].collider != agent.own
    ensures HasForeignHit(cast, agent.own)
    ensures GetNewPosition(agent, position, motion, direction, distance, cast, overlap)
         == GetValidPositionFromCollision(position, direction, distance, cast.buffer[1], overlap)
  {
    assert FirstForeign(cast.buffer, agent.own) == Some(1);
  }

  /** A slot no cast has written yet holds a default entry: no collider, a
      zero fraction and a zero normal. Resolving it leaves the agent where it
      is, since a zero normal makes every hit head-on and pushes nowhere. */
  lemma EmptyHitKeepsPosition(position: Vec2, direction: Vec2, distance: real, overlap: OverlapQuery)
    ensures GetValidPositionFromCollision(position, direction, distance, EmptyHit, overlap) == position
  {
    assert IncidenceAngle(direction, EmptyHit) == 0.0;
    var travelled := distance * EmptyHit.fraction;
    assert travelled == 0.0;
    assert Scale(direction, travelled) == Zero;
    assert PositionAtCollision(position, direction, distance, EmptyHit) == position;
  }

  /** The hit selection does not skip a never-written slot, whose null
      collider differs from the agent's own: when the one reported hit is the
      agent's own collider and the second slot was never written, the step
      resolves to the current position. */
  lemma UnwrittenSlotHoldsStill(agent: Agent, position: Vec2, motion: Vec2, direction: Vec2, distance: real,
                                ownHit: Hit, overlap: OverlapQuery)
    requires IsPolarForm(motion, direction, distance)
    requires agent.own != NoCollider && ownHit.collider == agent.own
    ensures FirstForeign([ownHit, EmptyHit], agent.own) == Some(1)
    ensures GetNewPosition(agent, position, motion, direction, distance, CastResult(1, [ownHit, EmptyHit]), overlap)
         == position
  {
    assert [ownHit, EmptyHit][1..] == [EmptyHit];
    EmptyHitKeepsPosition(position, direction, distance, overlap);
  }

  // ---------------------------------------------------------------------------
  // The head-on branch
  // ---------------------------------------------------------------------------

  /** A head-on hit stops the agent at the nudged contact point, whatever the
      overlap test would say. */
  lemma HeadOnStopsAtContact(position: Vec2, direction: Vec2, distance: real, hit: Hit,
                             overlap1: OverlapQuery, overlap2: OverlapQuery)
    requires IsHeadOn(IncidenceAngle(direction, hit))
    ensures GetValidPositionFromCollision(position, direction, distance, hit, overlap1)
         == Add(Add(position, Scale(direction, distance * hit.fraction)), Scale(hit.normal, 0.1))
    ensures GetValidPositionFromCollision(position, direction, distance, hit, overlap1)
         == GetValidPositionFromCollision(position, direction, distance, hit, overlap2)
  {
  }

  /** A zero motion is not short-circuited: a reported hit still pushes the
      agent 0.1 along the hit normal. */
  lemma ZeroMotionIsPushedOut(agent: Agent, position: Vec2, cast: CastResult, overlap: OverlapQuery)
    requires cast.count != 0 && HasForeignHit(cast, agent.own)
    ensures var hit := cast.buffer[FirstForeign(cast.buffer, agent.own).value];
            GetNewPosition(agent, position, Zero, Zero, 0.0, cast, overlap)
            == Add(position, Scale(hit.normal, CollisionNudge))
  {
    var hit := cast.buffer[FirstForeign(cast.buffer, agent.own).value];
    assert IncidenceAngle(Zero, hit) == 0.0;
    assert Add(position, Scale(Zero, 0.0 * hit.fraction)) == position;
  }

  // ---------------------------------------------------------------------------
  // The slide
  // ---------------------------------------------------------------------------

  /** For a contact inside the cast and an angle of magnitude at most 1, the
      slide covers between 0 and the whole rest of the motion; outside the
      head-on branch it keeps at least 1/100 of the rest. */
  lemma RemainingDistanceBounds(distance: real, fraction: real, angle: real)
    requires distance >= 0.0 && 0.0 <= fraction <= 1.0 && Abs(angle) <= 1.0
    ensures 0.0 <= RemainingDistance(distance, fraction, angle) <= distance * (1.0 - fraction)
    ensures !IsHeadOn(angle) ==> distance * (1.0 - fraction) * HeadOnCutoff <= RemainingDistance(distance, fraction, angle)
  {
    var rest := distance * (1.0 - fraction);
    var a := Abs(angle);
    MulMonotone(distance, 0.0, 1.0 - fraction);
    ScaledBetween(rest, a);
    assert RemainingDistance(distance, fraction, angle) == rest * a;
    if !IsHeadOn(angle) {
      MulMonotone(rest, HeadOnCutoff, a);
    }
  }

  /** The slide grows with the obliqueness of the hit, strictly while any
      motion is left after the contact. */
  lemma RemainingDistanceMonotone(distance: real, fraction: real, angle1: real, angle2: real)
    requires distance >= 0.0 && fraction <= 1.0
    requires Abs(angle1) <= Abs(angle2)
    ensures RemainingDistance(distance, fraction, angle1) <= RemainingDistance(distance, fraction, angle2)
    ensures distance > 0.0 && fraction < 1.0 && Abs(angle1) < Abs(angle2) ==>
              RemainingDistance(distance, fraction, angle1) < RemainingDistance(distance, fraction, angle2)
  {
    var rest := distance * (1.0 - fraction);
    MulMonotone(distance, 0.0, 1.0 - fraction);
    MulMonotone(rest, Abs(angle1), Abs(angle2));
    if distance > 0.0 && fraction < 1.0 && Abs(angle1) < Abs(angle2) {
      MulStrict(distance, 0.0, 1.0 - fraction);
      MulStrict(rest, Abs(angle1), Abs(angle2));
    }
  }

  /** The quarter turn is chosen so that the slide leans the way the motion
      does: its component along the motion is the magnitude of the angle. */
  lemma SlideFollowsMotion(direction: Vec2, hit: Hit)
    ensures Dot(SlideDirection(hit.normal, IncidenceAngle(direction, hit)), direction)
         == Abs(IncidenceAngle(direction, hit))
  {
  }

  /** The magnitude of the incidence angle is at most 1 for a unit direction
      and a unit normal. */
  lemma IncidenceAngleIsBounded(direction: Vec2, hit: Hit)
    requires IsUnit(direction) && IsUnit(hit.normal)
    ensures Abs(IncidenceAngle(direction, hit)) <= 1.0
  {
    assert IsUnit(Neg(direction));
    AngleIsBounded(Neg(direction), hit.normal);
  }

  /** An overlap answer that names the agent's own collider also refuses the
      slide: the overlap test does not skip the agent's own collider. */
  lemma OwnColliderRefusesSlide(agent: Agent, position: Vec2, direction: Vec2, distance: real,
                                hit: Hit, overlap: OverlapQuery)
    requires agent.own != NoCollider
    requires !IsHeadOn(IncidenceAngle(direction, hit))
    requires var angle := IncidenceAngle(direction, hit);
             var atCollision := PositionAtCollision(position, direction, distance, hit);
             overlap(Add(atCollision, Scale(SlideDirection(hit.normal, angle),
                                            RemainingDistance(distance, hit.fraction, angle)))) == agent.own
    ensures GetValidPositionFromCollision(position, direction, distance, hit, overlap)
         == PositionAtCollision(position, direction, distance, hit)
  {
  }

  /** With a unit normal the agent ends up no further from the contact point
      than the remaining distance: exactly there, or exactly that far away. */
  lemma SlideStaysWithinRemaining(position: Vec2, direction: Vec2, distance: real, hit: Hit, overlap: OverlapQuery)
    requires IsUnit(hit.normal)
    ensures var r := GetValidPositionFromCollision(position, direction, distance, hit, overlap);
            var atCollision := PositionAtCollision(position, direction, distance, hit);
            var remaining := RemainingDistance(distance, hit.fraction, IncidenceAngle(direction, hit));
            && (r == atCollision || SqrMagnitude(Sub(r, atCollision)) == remaining * remaining)
            && SqrMagnitude(Sub(r, atCollision)) <= remaining * remaining
  {
    var atCollision := PositionAtCollision(position, direction, distance, hit);
    var angle := IncidenceAngle(direction, hit);
    var remaining := RemainingDistance(distance, hit.fraction, angle);
    var slide := Scale(SlideDirection(hit.normal, angle), remaining);
    DotOfScale(SlideDirection(hit.normal, angle), remaining, SlideDirection(hit.normal, angle));
    assert Sub(Add(atCollision, slide), atCollision) == slide;
    assert Sub(atCollision, atCollision) == Zero;
    assert remaining * remaining >= 0.0;
  }

  /** How far the nudged contact point lies along a unit motion direction:
      the travelled part of the distance, plus the nudge's share, which is
      never positive against a surface that faces the motion. */
  lemma ContactReach(position: Vec2, direction: Vec2, distance: real, hit: Hit)
    requires IsUnit(direction) && Dot(hit.normal, direction) <= 0.0
    ensures Dot(Sub(PositionAtCollision(position, direction, distance, hit), position), direction)
         <= distance * hit.fraction
  {
    var travelled := distance * hit.fraction;
    var along, off := Scale(direction, travelled), Scale(hit.normal, CollisionNudge);
    assert Sub(PositionAtCollision(position, direction, distance, hit), position) == Add(along, off);
    DotOfAdd(along, off, direction);
    DotOfScale(direction, travelled, direction);
    DotOfScale(hit.normal, CollisionNudge, direction);
  }

  /** How far a slide carries the agent along the motion direction: at most
      what is left of the distance after the contact. */
  lemma SlideReach(direction: Vec2, distance: real, hit: Hit)
    requires IsUnit(direction) && GenuineHit(hit) && distance >= 0.0
    ensures var angle := IncidenceAngle(direction, hit);
            Dot(Scale(SlideDirection(hit.normal, angle), RemainingDistance(distance, hit.fraction, angle)), direction)
            <= distance * (1.0 - hit.fraction)
  {
    var angle := IncidenceAngle(direction, hit);
    var a := Abs(angle);
    var rest := distance * (1.0 - hit.fraction);
    var remaining := RemainingDistance(distance, hit.fraction, angle);
    var slideDir := SlideDirection(hit.normal, angle);
    SlideFollowsMotion(direction, hit);
    assert Dot(slideDir, direction) == a;
    DotOfScale(slideDir, remaining, direction);
    assert Dot(Scale(slideDir, remaining), direction) == remaining * a;
    IncidenceAngleIsBounded(direction, hit);
    MulMonotone(distance, 0.0, 1.0 - hit.fraction);
    assert remaining == rest * a;
    ScaledTwiceBetween(rest, a, remaining);
  }

  /** Against a surface that faces the motion, a step never carries the agent
      further along the motion's direction than the requested distance. */
  lemma NoOvershoot(position: Vec2, direction: Vec2, distance: real, hit: Hit, overlap: OverlapQuery)
    requires IsUnit(direction) && GenuineHit(hit) && distance >= 0.0
    requires Dot(hit.normal, direction) <= 0.0
    ensures Dot(Sub(GetValidPositionFromCollision(position, direction, distance, hit, overlap), position), direction)
         <= distance
  {
    var r := GetValidPositionFromCollision(position, direction, distance, hit, overlap);
    var atCollision := PositionAtCollision(position, direction, distance, hit);
    var angle := IncidenceAngle(direction, hit);
    var slide := Scale(SlideDirection(hit.normal, angle), RemainingDistance(distance, hit.fraction, angle));
    var travelled, rest := distance * hit.fraction, distance * (1.0 - hit.fraction);
    ContactReach(position, direction, distance, hit);
    MulMonotone(distance, 0.0, 1.0 - hit.fraction);
    assert travelled + rest == distance;
    if r != atCollision {
      SlideReach(direction, distance, hit);
      assert Sub(r, position) == Add(Sub(atCollision, position), slide);
      DotOfAdd(Sub(atCollision, position), slide, direction);
    }
  }

  // ---------------------------------------------------------------------------
  // The threshold guard of Move
  // ---------------------------------------------------------------------------

  /** The transform stays put exactly when the resolved position is where
      it already is or lies closer than the threshold. */
  lemma CommitStaysIffBelowThreshold(agent: Agent, transform: Vec3, newPosition: Vec2)
    ensures CommitPosition(agent, transform, newPosition) == transform
            <==> newPosition == Flatten(transform)
                 || SqrMagnitude(Sub(newPosition, Flatten(transform))) < SqrMinimumMovementThreshold(agent)
  {
    if newPosition == Flatten(transform) {
      assert Lift(newPosition, transform.z) == transform;
    }
  }

  /** The same for a whole Move: the transform stays put exactly when the
      position the step resolves to lies closer than a positive threshold. */
  lemma MoveStaysIffBelowThreshold(agent: Agent, transform: Vec3, motion: Vec2, direction: Vec2, distance: real,
                                   cast: CastResult, overlap: OverlapQuery)
    requires IsPolarForm(motion, direction, distance)
    requires cast.count == 0 || HasForeignHit(cast, agent.own)
    requires SqrMinimumMovementThreshold(agent) > 0.0
    ensures var p := GetNewPosition(agent, Flatten(transform), motion, direction, distance, cast, overlap);
            Move(agent, transform, motion, direction, distance, cast, overlap) == transform
            <==> SqrMagnitude(Sub(p, Flatten(transform))) < SqrMinimumMovementThreshold(agent)
  {
    var p := GetNewPosition(agent, Flatten(transform), motion, direction, distance, cast, overlap);
    assert Move(agent, transform, motion, direction, distance, cast, overlap) == CommitPosition(agent, transform, p);
    CommitStaysIffBelowThreshold(agent, transform, p);
    if p == Flatten(transform) {
      assert Sub(p, Flatten(transform)) == Zero;
    }
  }

  /** A free motion is committed exactly when it is at least as long as the
      magnitude of a non-zero threshold, and then it lands at
      position + motion with z unchanged. */
  lemma ShortFreeMotionIsDropped(agent: Agent, transform: Vec3, motion: Vec2, direction: Vec2, distance: real,
                                 cast: CastResult, overlap: OverlapQuery)
    requires IsPolarForm(motion, direction, distance)
    requires cast.count == 0
    requires agent.minimumMovementThreshold != 0.0
    ensures Move(agent, transform, motion, direction, distance, cast, overlap) == transform
            <==> distance < Abs(agent.minimumMovementThreshold)
    ensures distance >= Abs(agent.minimumMovementThreshold) ==>
              Move(agent, transform, motion, direction, distance, cast, overlap)
              == Lift(Add(Flatten(transform), motion), transform.z)
  {
    SqrThresholdIsPositive(agent);
    NoHitMovesFreely(agent, Flatten(transform), motion, direction, distance, cast, overlap, overlap);
    MoveStaysIffBelowThreshold(agent, transform, motion, direction, distance, cast, overlap);
    SqrComparisonMatchesLength(agent, distance);
  }

  /** With a zero threshold every resolved position is committed. */
  lemma ZeroThresholdAlwaysCommits(agent: Agent, transform: Vec3, motion: Vec2, direction: Vec2, distance: real,
                                   cast: CastResult, overlap: OverlapQuery)
    requires IsPolarForm(motion, direction, distance)
    requires cast.count == 0 || HasForeignHit(cast, agent.own)
    requires agent.minimumMovementThreshold == 0.0
    ensures Move(agent, transform, motion, direction, distance, cast, overlap)
         == Lift(GetNewPosition(agent, Flatten(transform), motion, direction, distance, cast, overlap), transform.z)
  {
    var p := GetNewPosition(agent, Flatten(transform), motion, direction, distance, cast, overlap);
    assert SqrMagnitude(Sub(p, Flatten(transform))) >= 0.0;
  }
}

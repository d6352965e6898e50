/**
 Concrete movement steps worked through the model: an agent whose own
 collider is 0, with the default threshold, stands at the origin and asks to
 move two units along +x; the cast reports one hit halfway, on collider 1.
 Each arithmetic fact is established in a lemma of its own, which keeps the
 solver's work on the literal products small.
 */
module ControllerScenarios {
  import opened Geometry
  import opened Physics
  import opened Controller

  const Walker: Agent := Agent(Collider(0), DefaultMinimumMovementThreshold)
  const Origin: Vec3 := Vec3(0.0, 0.0, 0.0)

  /** A move from the origin to a point at least 0.1 along x is committed. */
  lemma CommitFromOrigin(p: Vec2)
    requires p.x >= 0.1
    ensures CommitPosition(Walker, Origin, p) == Vec3(p.x, p.y, 0.0)
  {
    assert SqrMinimumMovementThreshold(Walker) == 0.01;
    assert Sub3(Lift(p, 0.0), Origin) == Vec3(p.x, p.y, 0.0);
    MulMonotone(p.x, 0.1, p.x);
    MulMonotone(0.1, 0.1, p.x);
  }

  /** Half of the two-unit cast along +x reaches (1, 0). */
  lemma HalfwayPoint()
    ensures Add(Vec2(0.0, 0.0), Scale(Vec2(1.0, 0.0), 2.0 * 0.5)) == Vec2(1.0, 0.0)
  {
  }

  // A wall facing the agent

  lemma WallNudge()
    ensures Scale(Vec2(-1.0, 0.0), CollisionNudge) == Vec2(-0.1, 0.0)
  {
  }

  lemma WallContact()
    ensures PositionAtCollision(Vec2(0.0, 0.0), Vec2(1.0, 0.0), 2.0, Hit(Collider(1), 0.5, Vec2(-1.0, 0.0)))
            == Vec2(0.9, 0.0)
  {
    HalfwayPoint();
    WallNudge();
  }

  lemma WallAngle()
    ensures IncidenceAngle(Vec2(1.0, 0.0), Hit(Collider(1), 0.5, Vec2(-1.0, 0.0))) == 0.0
  {
  }

  /** Hitting the wall head-on stops the agent 0.1 short of the contact. */
  lemma HeadOnCollision(overlap: OverlapQuery)
    ensures GetValidPositionFromCollision(Vec2(0.0, 0.0), Vec2(1.0, 0.0), 2.0,
                                          Hit(Collider(1), 0.5, Vec2(-1.0, 0.0)), overlap)
            == Vec2(0.9, 0.0)
  {
    WallContact();
    WallAngle();
  }

  /** The whole step: the transform ends at (0.9, 0, 0), whatever the overlap test says. */
  lemma HeadOnMove(overlap: OverlapQuery)
    ensures Move(Walker, Origin, Vec2(2.0, 0.0), Vec2(1.0, 0.0), 2.0,
                 CastResult(1, [Hit(Collider(1), 0.5, Vec2(-1.0, 0.0)), EmptyHit]), overlap)
            == Vec3(0.9, 0.0, 0.0)
  {
    var cast := CastResult(1, [Hit(Collider(1), 0.5, Vec2(-1.0, 0.0)), EmptyHit]);
    assert FirstForeign(cast.buffer, Collider(0)) == Some(0);
    HeadOnCollision(overlap);
    CommitFromOrigin(Vec2(0.9, 0.0));
  }

  // A floor the agent grazes

  lemma FloorNudge()
    ensures Scale(Vec2(0.0, 1.0), CollisionNudge) == Vec2(0.0, 0.1)
  {
  }

  lemma FloorContact()
    ensures PositionAtCollision(Vec2(0.0, 0.0), Vec2(1.0, 0.0), 2.0, Hit(Collider(1), 0.5, Vec2(0.0, 1.0)))
            == Vec2(1.0, 0.1)
  {
    HalfwayPoint();
    FloorNudge();
  }

  lemma FloorAngle()
    ensures IncidenceAngle(Vec2(1.0, 0.0), Hit(Collider(1), 0.5, Vec2(0.0, 1.0))) == 1.0
  {
  }

  lemma FloorTangent()
    ensures SlideDirection(Vec2(0.0, 1.0), 1.0) == Vec2(1.0, 0.0)
  {
    assert SlideTurn(1.0) == Plus90;
  }

  lemma FloorRemaining()
    ensures RemainingDistance(2.0, 0.5, 1.0) == 1.0
  {
  }

  /** The floor normal turned a quarter points along +x, and the full
      remaining unit is kept because the hit is perfectly grazing. */
  lemma FloorSlide()
    ensures Scale(SlideDirection(Vec2(0.0, 1.0), 1.0), RemainingDistance(2.0, 0.5, 1.0)) == Vec2(1.0, 0.0)
  {
    FloorTangent();
    FloorRemaining();
  }

  lemma FloorSlideEnd()
    ensures Add(Vec2(1.0, 0.1), Vec2(1.0, 0.0)) == Vec2(2.0, 0.1)
  {
  }

  /** Grazing the floor with the end of the slide clear: the agent slides
      along the floor by the whole remaining unit. */
  lemma GrazingSlide(overlap: OverlapQuery)
    requires overlap(Vec2(2.0, 0.1)) == NoCollider
    ensures GetValidPositionFromCollision(Vec2(0.0, 0.0), Vec2(1.0, 0.0), 2.0,
                                          Hit(Collider(1), 0.5, Vec2(0.0, 1.0)), overlap)
            == Vec2(2.0, 0.1)
  {
    FloorContact();
    FloorAngle();
    FloorSlide();
    FloorSlideEnd();
  }

  /** Grazing the floor with the end of the slide occupied: the agent stays
      at the contact point. */
  lemma GrazingBlocked(overlap: OverlapQuery)
    requires overlap(Vec2(2.0, 0.1)) != NoCollider
    ensures GetValidPositionFromCollision(Vec2(0.0, 0.0), Vec2(1.0, 0.0), 2.0,
                                          Hit(Collider(1), 0.5, Vec2(0.0, 1.0)), overlap)
            == Vec2(1.0, 0.1)
  {
    FloorContact();
    FloorAngle();
    FloorSlide();
  }

  /** The whole step: (2, 0.1, 0) with a clear slide end, (1, 0.1, 0) otherwise. */
  lemma GrazingMove(overlap: OverlapQuery)
    ensures var r := Move(Walker, Origin, Vec2(2.0, 0.0), Vec2(1.0, 0.0), 2.0,
                          CastResult(1, [Hit(Collider(1), 0.5, Vec2(0.0, 1.0)), EmptyHit]), overlap);
            && (overlap(Vec2(2.0, 0.1)) == NoCollider ==> r == Vec3(2.0, 0.1, 0.0))
            && (overlap(Vec2(2.0, 0.1)) != NoCollider ==> r == Vec3(1.0, 0.1, 0.0))
  {
    var cast := CastResult(1, [Hit(Collider(1), 0.5, Vec2(0.0, 1.0)), EmptyHit]);
    assert FirstForeign(cast.buffer, Collider(0)) == Some(0);
    if overlap(Vec2(2.0, 0.1)) == NoCollider {
      GrazingSlide(overlap);
      CommitFromOrigin(Vec2(2.0, 0.1));
    } else {
      GrazingBlocked(overlap);
      CommitFromOrigin(Vec2(1.0, 0.1));
    }
  }
}
